# Verification of the terminal's core package

A Dafny model of the pure domain package `packages/core`: the formula language, the command line and its search index,
calendars and day counts, price adjustment, and the seeded generator. Each file models one part of the package and proves
what its documentation and tests promise of it. `dafny verify dfyconfig.toml` checks everything.

## The parts

- **Formula language** (`Formula*.dfy`). Concrete derivations are an independent definition of the grammar; a functional
  descent is proved sound, complete and exact in its depth budget against them; the stateful parser refines the descent.
  The printer is proved against the same grammar, token by token, and its text against the scanner; evaluation is over
  exact reals with the context as total functions, and the evaluator class is proved to log every read.
  `FormulaLaws.dfy` says what evaluation computes by laws of evaluated trees, and `FormulaRecognition.dfy` which texts are
  which tokens, of the text alone.
- **Command line** (`Command*.dfy`, `TokenizerLaws.dfy`). The tokenizer's scans, the re-quoter that should undo it, and the
  argument parser and formatter, with the exact conditions under which each pair undoes the other; and where tokens end
  and which problems a parse reports, said of the line alone.
- **Search index** (`Universe*.dfy`, `Sorting.dfy`) and **most-recently-used list** (`Mru.dfy`). Lookups equal a scan of
  every entry, and `UniverseLaws.dfy` says what that scan answers; the list refines a least-recently-used specification
  over whole runs.
- **Calendars** (`CivilDates.dfy`, `EasterMoon.dfy`, `Calendar.dfy`, `CombinedCalendar.dfy`, `BusinessDays.dfy`,
  `DayCount.dfy`).
- **Price adjustment** (`CorporateActions.dfy`, `AdjustmentLaws.dfy`, `TotalReturn.dfy`, `TotalReturnLaws.dfy`) and
  **generator** (`Prng.dfy`, `PrngJump.dfy`).

Parts of the source that are not modelled enter as arbitrary functions: security-reference parsing, sector lookup, word
splitting and upper-casing, argument coercion, number spelling, holiday rules, evaluation contexts.

## Where the source promises more than it does

The model follows the code. Each of these is proved, by a counterexample or by the exact condition the code does meet.

- `packages/core/src/formula/ast.ts:388` says that parsing a printed tree gives the tree. Its tokens give the
  left-reassociated tree, and only within the depth budget: `FormulaPrinter.RoundTripExactly`, `RoundTripFails`. Its text
  gives those tokens, in their places, exactly where no reference rule interferes: `FormulaScansBack.PrintScansExactly`.
  The printed text can join a field and a ticker into one security, or a division and a field into a malformed
  reference: `FormulaCanonical.FieldJoinsTicker`, `FieldJoinsScheme`. So it parses to the reassociated tree exactly there,
  within both limits: `FormulaRescan.RereadExactly`.
- `packages/core/src/formula/parser.ts:433` calls the canonical spelling idempotent. Under that condition it is, within the
  depth budget and the length limit, and only under it does it keep the tree: `FormulaScansBack.CanonicalTextIsKept`,
  `FormulaRescan.CanonicalTextExactly`. From 22 chained minus signs on it no longer
  parses: `FormulaPrinter.ChainedSigns`.
- `packages/core/src/formula/evaluator.ts:116` says that a recorded window is 0 when only the current value was taken.
  `NORM` of a series alone takes the whole history and records 0, and a window for the same series hides that:
  `FormulaProvenance.ProvenanceExactly`, `ProvenanceAsDocumented`, `NormAndMovingAverage`.
- `packages/core/src/command/tokenizer.ts:148-152` says that a token re-quoted always comes back and that a text never
  holds a quote. A token of the form `KEY=` behind a formula that closes too soon does not, and a formula can hold a quote:
  `CommandSingleToken.TokensComeBack`, `KeyInAngle`, `QuoteInAngle`. Next to others, an unclosed bracket swallows its
  neighbour: `CommandRoundTrip.SafeExactly`, `SplitAngleIsLost`.
- `packages/core/src/command/args.ts:552` says nothing is overwritten. A later positional token or the leftovers can
  overwrite a keyed value: `CommandArgsOverwrites.KeptExactly` says on which command line, `LossExactly` in which grammar.
- `packages/core/src/command/args.ts:598` and `packages/core/src/command/args.ts:628` say that what has no spelling is
  listed as dropped. A slot whose value has none is not listed, unless a key names it or it is the rest:
  `CommandArgsLosses.LostInSilence`.
- `packages/core/test/command/formatArgs.test.ts:186-252` has every grammar bring its parsed parameters back or name them
  as dropped. `CommandArgsRecovery.ParseUndoesFormat` and `CommandArgsLosses.AccountedExactly` say exactly when; a
  grammar with a key of another type for a slot, like that of `QM`, can lose a keyed value unnamed:
  `CommandArgsLosses.ReadByAnotherType`.
- `packages/core/src/command/args.ts:623` says that a slot's parameter is never written as `KEY=`. Past the run it is, when
  it has a spelling and a key and is not the rest, and it is listed as dropped all the same:
  `CommandArgsLosses.SlotWrittenAsKey`.
- `packages/core/src/daycount/businessDay.ts:75` says that rolling a schedule preserves its order. Under `following` with
  the end-of-month rule two dates can swap: `BusinessDays.FollowingWithEndOfMonthBreaksOrder` says which.
- `packages/core/src/calendars/calendar.ts:618` says that the count of business days inverts the step. Forward from a day
  that is none it is one less: `BusinessDays.StepThenCount`.

## Model

| member | source | states |
|---|---|---|
| FormulaGrammar.ParserDecidesGrammar | packages/core/src/formula/parser.ts:84-303 | On every token list with an end marker the descent returns a tree if and only if the list derives an expression within the depth budget, and then that derivation's left-associative tree. |
| FormulaGrammar.ExprComplete | packages/core/src/formula/parser.ts:84-303 | The descent over the tokens of a derivation, wherever they stand, gives its tree and stops right after it exactly when the budget covers the derivation's depth, and fails otherwise. |
| FormulaGrammar.ExprSound | packages/core/src/formula/parser.ts:84-303 | Whatever tree the descent returns is the tree of a derivation whose tokens are exactly those it consumed. |
| FormulaGrammar.DerivedParses | packages/core/src/formula/parser.ts:292-303 | A derivation followed by the end marker parses to its tree exactly when one level more than its depth fits the budget. |
| FormulaGrammar.GrammarIsUnambiguous | packages/core/src/formula/parser.ts:84-303 | Two derivations of the same tokens have the same tree and the same depth. |
| FormulaParser.Parser.Next | packages/core/src/formula/parser.ts:69-73 | Gives the current token and moves on, never past the end marker. |
| FormulaParser.Parser.Abort | packages/core/src/formula/parser.ts:275-285 | Raises the abort flag with one problem and moves to the end marker, never back. |
| FormulaParser.Parser.Expression | packages/core/src/formula/parser.ts:84-109 | Restores `depth` on every path, never moves back, touches nothing once aborted, and is clean exactly when the grammar's descent succeeds with the remaining budget, with its tree and stop. |
| FormulaParser.Parser.Term | packages/core/src/formula/parser.ts:111-130 | The same for products. |
| FormulaParser.Parser.UnaryExpression | packages/core/src/formula/parser.ts:132-152 | The same for chained signs, one level of the budget each. |
| FormulaParser.Parser.Primary | packages/core/src/formula/parser.ts:154-223 | The same for numbers, names, references, calls and parentheses. |
| FormulaParser.Parser.CallExpression | packages/core/src/formula/parser.ts:225-273 | The same for calls: unknown function, missing parenthesis and exhausted budget all leave a problem. |
| FormulaParser.Parser.Arguments | packages/core/src/formula/parser.ts:225-273 | Keeps the arguments the descent finds, at most eight of them, or leaves a problem. |
| FormulaParser.Parser.Parse | packages/core/src/formula/parser.ts:292-303 | Terminates on every token list, leaves `depth` at zero, and reports no problem with the descent's tree exactly when the whole list is an expression; otherwise there is a problem or a scan error. |
| FormulaAccept.CheckStatically | packages/core/src/formula/parser.ts:310-364 | Adds no problem to a tree without holes exactly when every call in it is legal: arity, series arguments, windows. |
| FormulaAccept.LegalIsEverywhere | packages/core/src/formula/parser.ts:310-316 | The recursive legality is the legality of every node the walk visits. |
| FormulaAccept.SumHasNoHoles | packages/core/src/formula/parser.ts:287-290 | Trees of derivations have no error node. |
| FormulaAccept.ParseTokens | packages/core/src/formula/parser.ts:404-420 | Succeeds, with no problem and a legal tree without holes, exactly when no token is an error and the tokens are accepted. |
| FormulaAccept.AcceptsExactlyTheGrammar | packages/core/src/formula/parser.ts:387-425 | A token list is accepted if and only if it derives an expression within 64 levels whose calls are all legal. |
| FormulaWalk.WalkFormula | packages/core/src/formula/ast.ts:283-308 | The explicit stack visits every node once, parents first, arguments left to right. |
| FormulaWalk.FindErrorNode | packages/core/src/formula/ast.ts:270-281 | Finds an error node exactly when the tree has one. |
| FormulaWalk.FormulaDependencies | packages/core/src/formula/ast.ts:311-346 | Fields, securities and functions each once in first-met order, and the greatest window literal. |
| FormulaPrinter.ParseOfFormat | packages/core/src/formula/ast.ts:391-423 | Parsing the printed tokens gives the left-reassociated tree exactly when the stated depth of the print fits the budget, and fails otherwise. |
| FormulaPrinter.RoundTripExactly | packages/core/src/formula/ast.ts:384-391 | Printing to tokens and parsing those gives back the same tree if and only if the tree is left-nested and its print fits 64 levels. |
| FormulaPrinter.ReassocFixesLeftNested | packages/core/src/formula/ast.ts:391-423 | Reassociation always yields a left-nested tree and changes nothing exactly on left-nested ones. |
| FormulaPrinter.ReassocPrintsTheSame | packages/core/src/formula/ast.ts:391-423 | The reassociated tree prints to the same tokens. |
| FormulaPrinter.AcceptedIsPrintable | packages/core/src/formula/parser.ts:310-364 | Every legal tree without holes is one the printer spells within the grammar. |
| FormulaPrinter.ReassocKeepsLegal | packages/core/src/formula/parser.ts:310-364 | Reassociation neither gains nor loses legality. |
| FormulaPrinter.CanonicalIsStable | packages/core/src/formula/parser.ts:432-440 | The canonical tokens of an accepted formula are accepted if and only if their depth fits 64, and then they are their own canonical print. |
| FormulaPrinter.ChainedSigns | packages/core/src/formula/parser.ts:132-152 | `n` chained minus signs parse exactly up to 63; their canonical print parses exactly up to 21. |
| FormulaPrinter.RoundTripFails | packages/core/src/formula/ast.ts:388 | `A+(B+C)` prints to the tokens of `A+B+C`, which parse to another tree. |
| FormulaText.ReassocPrintsTheSameText | packages/core/src/formula/ast.ts:391-423 | The reassociated tree has the same canonical text, the padding behind scheme references included. |
| FormulaScansBack.PrintScansExactly | packages/core/src/formula/ast.ts:391-423 | For a tree whose leaves are spelled as the scanner reads them: the scanner finds the printed tokens where they were printed if and only if no reference rule fires at a number, field, function name or division of the text, and one does at each security for its own spelling; then the text scans back. |
| FormulaScansBack.AcceptedIsSpelled | packages/core/src/formula/lexer.ts:458-519 | The leaves of an accepted tree have spellings the scanner reads, whenever numbers are read back from their spelling and canonical securities look like references. |
| FormulaCanonical.TextRoundTrip | packages/core/src/formula/ast.ts:384-391 | For a legal tree without holes, a text that scans back is accepted if and only if it fits 400 characters and 64 levels; then it stands for the left-reassociated tree, prints as itself, and gives back the printed tree exactly when that is left-nested. What the other texts give is RereadExactly's. |
| FormulaRescan.RereadExactly | packages/core/src/formula/ast.ts:384-391 | For a legal tree whose leaves are spelled as the scanner reads them, and references recognised at their own length: the text parses to the left-reassociated tree if and only if no reference rule interferes and the text fits both limits, and to the printed tree if and only if that is left-nested too. |
| FormulaRescan.RereadNeedsGuard | packages/core/src/formula/ast.ts:391-423 | Under the same conditions, a text that parses to any tree with the printed tokens in their order is one in which no reference rule interferes. |
| FormulaRescan.SumCore | packages/core/src/formula/parser.ts:84-303 | All derivations of one legal tree have the same tokens but for brackets and commas. |
| FormulaScansBack.CanonicalTextIsKept | packages/core/src/formula/parser.ts:432-440 | The canonical text of an accepted formula, where no reference rule interferes (exactly where, CanonicalTextExactly says): accepted exactly within the two limits, printing as itself, and with the same value, reason and reads in every context. |
| FormulaRescan.CanonicalTextExactly | packages/core/src/formula/parser.ts:432-440 | The canonical text of an accepted formula parses to its left-reassociated tree if and only if no reference rule interferes and the text fits both limits. |
| FormulaCanonical.FieldJoinsTicker | packages/core/src/formula/lexer.ts:404-436 | `PX - SPX Index`, left-nested and shallow, prints as `PX-SPX Index`, which reads back as one security. |
| FormulaCanonical.FieldJoinsScheme | packages/core/src/formula/lexer.ts:385-402 | `A / ISIN / X` is accepted, and prints as `A/ISIN/X`, which is no formula: behind the first slash a malformed reference begins. |
| FormulaEvaluator.CapIsInvisible | packages/core/src/formula/evaluator.ts:226-234 | A tree no higher than the cap evaluates as without a cap, reads included. |
| FormulaEvaluator.NeverTooDeep | packages/core/src/formula/evaluator.ts:226-234 | Only the cap ever answers too-deep. |
| FormulaEvaluator.BothAssociates | packages/core/src/formula/evaluator.ts:236-327 | Evaluating two operators of one band in either grouping gives the same value or reason and the same reads. |
| FormulaEvaluator.ReassocMeansTheSame | packages/core/src/formula/evaluator.ts:236-327 | Reassociation preserves value, reason and the reads made, in every context. |
| FormulaReads.Evaluator.RecordRead | packages/core/src/formula/evaluator.ts:159-164 | Logs one more read; the log stays the merged form of every read requested. |
| FormulaReads.Evaluator.ReadFieldValue | packages/core/src/formula/evaluator.ts:181-194 | One field read: its value or reason, and exactly one request. |
| FormulaReads.Evaluator.ReadSeries | packages/core/src/formula/evaluator.ts:196-216 | One series read with the window asked for, and the history that is usable for it. |
| FormulaReads.Evaluator.Evaluate | packages/core/src/formula/evaluator.ts:226-310 | Value and requests are those of the capped meaning with the depth that remains; the depth is restored; what that meaning computes, FormulaLaws says. |
| FormulaReads.OverPoints | packages/core/src/formula/evaluator.ts:286-310 | The moving average and the normalised value of a history, summed in a loop. |
| FormulaReads.EvaluateFormulaNode | packages/core/src/formula/evaluator.ts:351-361 | The value of the capped meaning and the merged log of everything it read; the laws of that value are those of FormulaLaws. |
| FormulaProvenance.RecordLosesNothing | packages/core/src/formula/evaluator.ts:159-172 | Every request is covered by the merged log if and only if the requests' text keys are faithful. |
| FormulaProvenance.WellKeyedIsFaithful | packages/core/src/formula/evaluator.ts:159-172 | Trees whose names carry no separator and no empty security make faithful keys. |
| FormulaProvenance.ProvenanceIsComplete | packages/core/src/formula/evaluator.ts:159-310 | Where no input is asked for with its whole history and with a window too, a context with the same default field that agrees on every recorded input gives the same evaluation and the same inputs. Agreeing: the same current value and the same usable history over each window from 1 to the recorded one, the whole history only where the recorded window is 0. |
| FormulaProvenance.ProvenanceExactly | packages/core/src/formula/evaluator.ts:159-310 | In any context, agreeing on the recorded inputs fixes the evaluation if and only if no input is asked for with its whole history and with a window too. |
| FormulaProvenance.ProvenanceAsDocumented | packages/core/src/formula/evaluator.ts:112-118 | Read as the source documents it, window 0 being a current value only, agreeing on the recorded inputs fixes the evaluation if and only if no whole history is asked for. |
| FormulaProvenance.UnmixedTextIsComplete | packages/core/src/formula/evaluator.ts:280-310 | A tree that names no series both in a one-argument `NORM` and in a call with a window has complete provenance in every context. |
| FormulaProvenance.NormAndMovingAverage | packages/core/src/formula/evaluator.ts:159-164 | `NORM(X)+MA(X,2)` records window 2 alone; two contexts that agree on that input give 101 and 51. |
| FormulaProvenance.CollidingKeysHideAnInput | packages/core/src/formula/evaluator.ts:159-164 | A tree with an empty security name collides with the row's own security: one input is recorded, two are read, and the values differ. |
| FormulaProvenance.RequestsFollowText | packages/core/src/formula/evaluator.ts:236-310 | The requests are a front of what the text names, and all of it when the result has a value. |
| FormulaProvenance.InputsAreDependencies | packages/core/src/formula/ast.ts:311-346 | Recorded inputs are among the formula's dependencies, securities at the default field, and are exactly those, largest window included, whenever the result has a value. |
| FormulaLexer.FormulaBody | packages/core/src/formula/lexer.ts:176-207 | The trimmed body and whether it was wrapped in angle brackets. |
| FormulaLexer.CollectWords | packages/core/src/formula/lexer.ts:220-239 | The spans of the words after a start, up to a limit and a structural character. |
| FormulaLexer.ScanReference | packages/core/src/formula/lexer.ts:373-456 | Recognises a scheme, anchored or bare reference, or refuses, as the reference rules say; which texts those are, FormulaRecognition.SecurityExactly says of the text alone. |
| FormulaLexer.ScanToken | packages/core/src/formula/lexer.ts:458-519 | One number, word, operator or error token. |
| FormulaLexer.LexFormula | packages/core/src/formula/lexer.ts:283-367 | The tokens of the body and the end marker; a problem exactly when some token is an error; which token each text is, FormulaRecognition.SecurityExactly, MalformedExactly and OrdinaryExactly say. |
| FormulaLexer.ScanTiles | packages/core/src/formula/lexer.ts:283-367 | Tokens tile the body: spans follow one another, none is empty, and only white space lies between them. |
| FormulaLexer.TilesAreFew | packages/core/src/formula/lexer.ts:283-367 | There are no more tokens than characters. |
| FormulaLexer.ScannedAreClean | packages/core/src/formula/lexer.ts:283-367 | Scanned words and references never contain the separators that would make two inputs share a key. |
| FormulaPipeline.ParseFormula | packages/core/src/formula/parser.ts:387-425 | Accepts exactly the accepted texts, with tree and canonical text, and no problem then and only then; too long and not-a-string end at once. |
| FormulaPipeline.AcceptedIsLow | packages/core/src/formula/evaluator.ts:81-82 | An accepted formula of at most 400 characters is at most 232 high, below the evaluator's 256. |
| FormulaPipeline.CanonicalEvaluatesTheSame | packages/core/src/formula/parser.ts:432-440 | An accepted formula is never too deep, and the left-reassociated tree of its canonical print has the same value, reason and reads in every context. |
| FormulaPipeline.AcceptedProvenance | packages/core/src/formula/evaluator.ts:351-371 | For accepted texts, agreeing on the default field and the recorded inputs fixes the evaluation if and only if no input is asked for with its whole history and with a window too, which takes a text that names a series both ways. |
| FormulaPipeline.EvaluateFormula | packages/core/src/formula/evaluator.ts:363-371 | No value exactly when the text is not accepted; otherwise the uncapped meaning and its inputs; the laws of that value are those of FormulaLaws. |
| CommandTokenizer.CloseAngleBalanced | packages/core/src/command/tokenizer.ts:47-65 | The bracket stack scan: where the angle closes, if it does. |
| CommandTokenizer.CloseAngleFlat | packages/core/src/command/tokenizer.ts:68-86 | The flat angle count. |
| CommandTokenizer.CloseBareFormula | packages/core/src/command/tokenizer.ts:97-113 | Where the parentheses of a bare `NAME(` close, if they do. |
| CommandTokenizer.Tokenize | packages/core/src/command/tokenizer.ts:185-233 | The tokens of a line: formulas whole, quoted runs spliced, spaces between. |
| CommandTokenizer.LexSpans | packages/core/src/command/tokenizer.ts:185-233 | Token spans are in order, non-empty and inside the line. |
| CommandRoundTrip.StableBalanced | packages/core/src/command/tokenizer.ts:47-65 | A balanced close found in a text stays where it is when more text follows. |
| CommandRoundTrip.StableParens | packages/core/src/command/tokenizer.ts:97-113 | So does a parenthesis close. |
| CommandRoundTrip.ShiftLex | packages/core/src/command/tokenizer.ts:185-233 | Lexing from a position depends only on what follows it. |
| CommandRoundTrip.RoundTrip | packages/core/src/command/tokenizer.ts:154-180 | Joining and tokenizing gives back exactly the texts, for every list of safe ones. |
| CommandRoundTrip.UnsafeLoses | packages/core/src/command/tokenizer.ts:154-180 | Every text that is not safe is lost next to some text. |
| CommandRoundTrip.SafeExactly | packages/core/src/command/tokenizer.ts:154-180 | A text comes back next to every safe neighbour if and only if it is safe: a formula closed by its own brackets, or quote-free and not opening a formula, or quote-free, no formula, with a space or closed too soon, and not of the form `KEY=`. |
| CommandRoundTrip.QuotedWholeExactly | packages/core/src/command/tokenizer.ts:154-175 | Those last guards are exactly when a quote-free text is quoted from its first character. |
| CommandRoundTrip.SplitAngleIsLost | packages/core/src/command/tokenizer.ts:178-180 | `<A` and `B>` each come back alone, and join into one token. |
| CommandSingleToken.ComesBackExactly | packages/core/src/command/tokenizer.ts:147-175 | One text, quoted and tokenized on its own, comes back if and only if it is empty, or a formula whole, or holds no quote and is not of the form `KEY=` behind a formula that closes. |
| CommandSingleToken.TokenTexts | packages/core/src/command/tokenizer.ts:150-152 | Every token of a line is a formula whole or holds no quote. |
| CommandSingleToken.TokensComeBack | packages/core/src/command/tokenizer.ts:147-152 | A token of a line comes back if and only if it is not of the form `KEY=` with a formula in front that closes before its end. |
| CommandSingleToken.KeyInAngle | packages/core/src/command/tokenizer.ts:159-175 | The one token of `""<A=B>'` is `<A=B>'`; quoted again it is `<A="B>'"`, whose first token is `<A="B>`. |
| CommandSingleToken.QuoteInAngle | packages/core/src/command/tokenizer.ts:150-152 | `<"A>` is one token, holds a quote, and comes back. |
| CommandFormulaText.FormulaBodyRoundTrip | packages/core/src/command/tokenizer.ts:126-145 | For every text with a non-empty formula body, wrapping that body again and taking the body gives it back. |
| CommandFormulaText.WrappedIsFormula | packages/core/src/command/tokenizer.ts:116-145 | A formula token stays one when the white space inside its brackets is dropped. |
| CommandArgs.KeyedReadsBack | packages/core/src/command/grammar.ts:93-94 | A key, `=` and any value read back as that key and that value. |
| CommandArgs.FillSlots | packages/core/src/command/args.ts:506-550 | Tokens go to slots in order, optional slots that refuse are skipped, a required one that refuses stops the fill. |
| CommandArgs.ParseArgs | packages/core/src/command/args.ts:460-581 | Keyed arguments, slots, leftovers and missing slots together. |
| CommandArgs.FormatArgs | packages/core/src/command/args.ts:633-697 | The run of leading slots, the keyed parameters, the rest, and what is dropped. |
| CommandArgsRecovery.ParseUndoesFormat | packages/core/src/command/args.ts:633-697 | For every grammar with distinct slots, whatever its keys and its rest name: parsing what formatting wrote gives exactly the written parameters and no problem if and only if every written key is known and coerces, leftovers have a rest, required slots are set, and each written parameter, and no other, ends with its own value: the leftovers joined, its slot's token, or its last keyed value. |
| CommandArgsRecovery.RecoveredInPlace | packages/core/src/command/args.ts:633-697 | The same read off the values, for grammars with distinct slots, where no token of the run or the rest has the shape of a key, the keys written read back, and a slot of the run that is the rest accepts its token: each slot of the run reads its token as its value; each keyed token coerces to its value, or its slot takes the rest's token as that value; the other slots are optional or set; the rest's token is left over as its own text or taken by its own slot as its value. |
| CommandArgsRecovery.RecoveredApart | packages/core/src/command/args.ts:633-697 | Where keys read back and no two of slots, keys and rest name one parameter, everything comes back if and only if no plain token has the shape of a key and those conditions hold. |
| CommandArgsRecovery.OutcomesInPlace | packages/core/src/command/args.ts:633-697 | Where every slot of the run accepts its own plain token, what each parameter is set to: the rest's text left over, its slot's token, the rest's token taken by its slot, or its keyed token. |
| CommandArgsRecovery.RestInItsOwnSlot | packages/core/src/command/args.ts:633-697 | A rest that is also a slot, the slot before it empty and refusing the text: the text is written once and comes back in that slot. |
| CommandArgsRecovery.ItemsRead | packages/core/src/command/args.ts:484-505 | Keyed arguments whose keys read back set each parameter to what its last token coerces to, with no problem exactly when each coerces. |
| CommandArgsMeaning.FillFacts | packages/core/src/command/args.ts:507-550 | Filling takes one slot a token, only free slots, and leaves every other parameter alone. |
| CommandArgsLosses.DroppedExactly | packages/core/src/command/args.ts:633-697 | For every grammar: a parameter is reported as dropped if and only if it is a slot's past the leading run with a one-token spelling (written by a key or as the rest, or not), or it has a value, no token of it was written, and it is not a slot whose value has no spelling, with no key and not the rest. |
| CommandArgsLosses.LostInSilence | packages/core/src/command/args.ts:644-688 | For every grammar: what is left out without a report is exactly the slots whose value has no one-token spelling, that no key names, and that are not the rest. |
| CommandArgsLosses.SlotWrittenAsKey | packages/core/src/command/args.ts:646-688 | For any grammar and for a slot's parameter: it is among the written `KEY=value` arguments if and only if it is past the leading run, has a one-token spelling and a key, and is not the rest; then it is reported as dropped as well. |
| CommandArgsLosses.AccountedExactly | packages/core/src/command/args.ts:633-697 | For every grammar with distinct slots and every bag: a parameter survives formatting and parsing or is reported if and only if it is a spelled slot's past the run, or unwritten and not such a silent slot's, or the written arguments set it to its own value. |
| CommandArgsLosses.AccountedInPlace | packages/core/src/command/args.ts:633-697 | The same with each token in its place: the last case read off the run, the keyed tokens and the rest's. |
| CommandArgsLosses.RecoveredIsAccounted | packages/core/src/command/args.ts:633-697 | When what was written comes back, every value survives or is reported, except exactly a silent slot's. |
| CommandArgsLosses.ReadByAnotherType | packages/core/src/command/args.ts:598-632 | A slot and a key of another type for one parameter: a value that the key gives is written as the slot's token, read back as another value, and not reported. |
| CommandArgsMeaning.FillGives | packages/core/src/command/args.ts:506-550 | With distinct slots, a slot that gets a token holds its value, and one that gets none is not filled and keeps what it had; the tokens are handed out in order, each behind the slot of the one before. |
| CommandArgsMeaning.FillLeaves | packages/core/src/command/args.ts:506-550 | The slot loop leaves exactly the tokens from the first one that no slot takes. |
| CommandArgsMeaning.PassMeans | packages/core/src/command/args.ts:475-505 | The keyed pass keeps the last value of each key, reports a problem for each unknown key and each value that does not coerce, and passes the other arguments on in order. |
| CommandArgsMeaning.ParsedMeans | packages/core/src/command/args.ts:460-581 | With distinct slots, every parsed parameter has the joined leftovers if it is the rest, else its slot's token, else its last keyed value, and is absent otherwise; there is no problem if and only if every key is known and coerces, leftovers have a rest and required slots are set. |
| CommandArgsMeaning.ParsedExactly | packages/core/src/command/args.ts:460-581 | A command line parses to given parameters without a problem if and only if it is accepted and means exactly them. |
| CommandArgsOverwrites.KeptExactly | packages/core/src/command/args.ts:552-555 | With distinct slots, a keyed value survives the parse if and only if nothing later sets its parameter to another value. |
| CommandArgsOverwrites.LossExactly | packages/core/src/command/args.ts:552-555 | A grammar with distinct slots loses a keyed value of a parameter on some command line if and only if some key sets it and it is the rest, or is a slot's that can be reached and accepts an argument for another value. |
| CommandArgsOverwrites.KeyedIsKept | packages/core/src/command/args.ts:552-555 | Where keyed names are no slots nor the rest, every keyed value survives the parse. |
| CommandArgsOverwrites.PositionalOverwritesKeyed | packages/core/src/command/args.ts:552-555 | In a grammar of one slot and one key for it, a keyed value is replaced by the next positional token. |
| UniverseEntries.LowerBound | packages/core/src/command/index.ts:349-358 | Splits sorted keys at the prefix: all before are less, none after. |
| UniverseEntries.PrefixUpperBound | packages/core/src/command/index.ts:364-373 | From the lower bound on, exactly the keys before the result have the prefix. |
| UniverseEntries.PrefixBlock | packages/core/src/command/index.ts:360-363 | Past a key that is not less than a prefix and lacks it, no later key has it. |
| UniverseWords.BuildBuckets | packages/core/src/command/index.ts:475-503 | Each bucket holds exactly the entries with that key, once; short keys only notable entries. |
| UniverseWords.FrozenBucket | packages/core/src/command/index.ts:900-910 | A frozen bucket is those entries, best first. |
| UniverseWords.BucketAnswers | packages/core/src/command/index.ts:665-690 | Filtering the bucket of the query's key is scanning every entry. |
| UniverseTrigrams.TrigramsOf | packages/core/src/command/index.ts:151-160 | The distinct padded trigrams of the words, in order. |
| UniverseTrigrams.CommonIsShared | packages/core/src/command/index.ts:166-183 | The one-pass merge counts exactly the shared elements of two sorted lists. |
| UniverseTrigrams.Jaccard | packages/core/src/command/index.ts:166-183 | The merge gives the size of the intersection over the size of the union, and nothing for an empty side. |
| UniverseTrigrams.OfferedTexts | packages/core/src/command/index.ts:917-932 | An entry has at most eight texts, all different, all offered, and all that were offered when there is room. |
| UniverseTrigrams.UnitsAre | packages/core/src/command/index.ts:504-531 | The text units are those of the notable entries' texts with trigrams, and no others. |
| UniverseSearch.BuildUnits | packages/core/src/command/index.ts:504-531 | The tables name each unit's entry and size; each posting holds exactly the units with its trigram. |
| UniverseSearch.CountAll | packages/core/src/command/index.ts:724-740 | Whatever the counters held, after counting they say how many trigrams each unit shares, and touched units are those that share one. |
| UniverseHits.PickBest | packages/core/src/command/index.ts:742-752 | Each entry keeps the best score among its touched units. |
| UniverseHits.CollectedIsScan | packages/core/src/command/index.ts:742-760 | The collected, sorted hits are those of a scan of every unit. |
| UniverseHits.ScanFindsBestText | packages/core/src/command/index.ts:712-762 | With a positive floor and units below 65536 trigrams, the hits are exactly the notable entries whose best text reaches the floor, each with that best Jaccard similarity. |
| UniverseHits.StaleStampsScoreLower | packages/core/src/command/index.ts:723-735 | Once the query count no longer fits a stamp, a unit that shares two trigrams or more scores too low. |
| UniverseIndex.UniverseIndex.TickerPrefix | packages/core/src/command/index.ts:600-611 | Exactly the entries whose ticker has the prefix, in ticker order, cut to the limit. |
| UniverseIndex.UniverseIndex.WordPrefix | packages/core/src/command/index.ts:665-690 | Exactly the entries with a word that has the prefix, only notable ones below three characters, best first, cut to the limit. |
| UniverseIndex.UniverseIndex.TrigramSearch | packages/core/src/command/index.ts:718-762 | The hits of the scan, cut to the limit, whatever earlier queries left in the counters; the index stays valid. |
| Mru.KeysAreFaithful | packages/core/src/search/types.ts:235-237 | Two candidates share a key text only when they are the same. |
| Mru.KeptIsLatest | packages/core/src/command/index.ts:838-869 | Of any rows in any order with any repeats: at most fifty, latest first, each the latest of its key, and a key is lost only when fifty others are at least as recent. |
| Mru.MruList.SetMru | packages/core/src/command/index.ts:838-869 | The kept rows, and each key's rank and count in the map. |
| Mru.RankIsPlace | packages/core/src/command/index.ts:862-868 | The map gives each kept key its place in the list and its count, and has no other key. |
| Mru.MruList.NoteUse | packages/core/src/command/index.ts:876-886 | The list with the key's old row replaced by one use more at the new time. |
| Mru.RunIsMostRecent | packages/core/src/command/index.ts:876-886 | After any run of uses at strictly increasing times the list is the first fifty of all keys ever used, most recent first. |
| Mru.PlaceCountsKeysSince | packages/core/src/command/index.ts:876-886 | A key's place is the number of different keys used since its own last use. |
| Mru.RemembersRecentKeys | packages/core/src/command/index.ts:876-886 | A key is on the list if and only if it was used and fewer than fifty other keys have been used since. |
| Mru.CountIsUsesSinceEviction | packages/core/src/command/index.ts:876-886 | A key's count is the number of its uses since it was last off the list. |
| CivilDates.FieldsAreReal | packages/core/src/calendars/calendar.ts:115-131 | Every integer gives a real date. |
| CivilDates.DayRoundTrip | packages/core/src/calendars/calendar.ts:104-131 | Day to date to day is the identity on all integers. |
| CivilDates.DateRoundTrip | packages/core/src/calendars/calendar.ts:104-131 | Date to day to date is the identity on all real dates. |
| CivilDates.EpochDayOrders | packages/core/src/calendars/calendar.ts:104-112 | Epoch days order dates strictly by year, month and day, both ways, and are equal only for equal dates. |
| CivilDates.DayOfWeekIsEuclidean | packages/core/src/calendars/calendar.ts:137-140 | The twice-truncated remainder is the Euclidean one, before 1970 too. |
| CivilDates.WeekdaysCycle | packages/core/src/calendars/calendar.ts:137-166 | Moving a date by any number of days moves its weekday by that number modulo seven. |
| CivilDates.EasterIsASunday | packages/core/src/calendars/calendar.ts:261-277 | From year 0 on, Easter is a real date from 22 March to 25 April and falls on a Sunday; which Sunday, EasterMoon.EasterFollowsMoon says. |
| CivilDates.EasterNeedsACommonEraYear | packages/core/src/calendars/calendar.ts:261-277 | An example before year 0: for year -2 the truncating remainders give 10 March. |
| Calendar.BuildIndex | packages/core/src/calendars/calendar.ts:473-493 | The index of a year: the first row of each day and kind that belongs to it, closures before early closes. |
| Calendar.EntryIsFirstRow | packages/core/src/calendars/calendar.ts:473-496 | A day's entry is the first closure the rules of the three years give it, or else the first early close; a weekend has none. |
| Calendar.IndexIsClean | packages/core/src/calendars/calendar.ts:479-491 | An index never lists a weekend, another year, a day twice, or a row the rules did not give. |
| Calendar.RuleCalendar.IndexFor | packages/core/src/calendars/calendar.ts:473-493 | Cached or not, the answer is the uncached index, and the cache stays true. |
| Calendar.RuleCalendar.IsBusinessDay | packages/core/src/calendars/calendar.ts:508-510 | Answers as the uncached rule after any earlier queries. |
| Calendar.RuleCalendar.IsHoliday | packages/core/src/calendars/calendar.ts:507 | A weekday closed by the uncached rule. |
| Calendar.RuleCalendar.HolidayName | packages/core/src/calendars/calendar.ts:511-514 | The name of the uncached rule's closure, if the day is one. |
| Calendar.RuleCalendar.EarlyCloseOn | packages/core/src/calendars/calendar.ts:515-519 | Answers as the uncached rule after any earlier queries. |
| Calendar.RuleCalendar.Holidays | packages/core/src/calendars/calendar.ts:520-524 | The indexes of the years, sorted by day. |
| Calendar.SortIsAscending | packages/core/src/calendars/calendar.ts:520-524 | Listings are in day order. |
| CombinedCalendar.UnionRows | packages/core/src/calendars/calendar.ts:657-706 | The rows of a union for one year, filed through the maps in member order. |
| CombinedCalendar.CombinedEntry | packages/core/src/calendars/calendar.ts:657-706 | The union's entry for a day is the fold of its members' entries. |
| CombinedCalendar.CombineIsUnion | packages/core/src/calendars/calendar.ts:657-706 | A day is a business day exactly when it is one for every member; it closes early exactly when it is, and some member closes early. |
| CombinedCalendar.CombineKeepsEarliestClose | packages/core/src/calendars/calendar.ts:683-700 | The union's early close is at the earliest time any member states, and has no time only when none states one. |
| BusinessDays.NextBusinessDay | packages/core/src/calendars/calendar.ts:560-568 | The first business day from a date on, within the bound. |
| BusinessDays.PreviousBusinessDay | packages/core/src/calendars/calendar.ts:570-578 | The last business day up to a date, within the bound. |
| BusinessDays.RollUpFinds | packages/core/src/calendars/calendar.ts:560-568 | A roll forward stops at the first business day whenever one is within the bound. |
| BusinessDays.RollDownFinds | packages/core/src/calendars/calendar.ts:570-578 | A roll back stops at the last business day whenever one is within the bound. |
| BusinessDays.ModifiedFollowingKeepsOrder | packages/core/src/calendars/calendar.ts:588-602 | Where every month has a business day, modified following finds a day and keeps order. |
| BusinessDays.PrecedingKeepsOrder | packages/core/src/calendars/calendar.ts:588-602 | So does preceding. |
| BusinessDays.EndOfMonthIsRedundant | packages/core/src/daycount/businessDay.ts:62-73 | Under those two conventions the end-of-month rule changes nothing. |
| BusinessDays.ScheduleKeepsOrder | packages/core/src/daycount/businessDay.ts:75-82 | An ordered schedule stays ordered under those two conventions, with or without the end-of-month rule. |
| BusinessDays.FollowingWithEndOfMonthBreaksOrder | packages/core/src/daycount/businessDay.ts:62-73 | Under following with that rule two dates swap if and only if the later is its month's last day, the earlier is in that month, and no business day lies between them. |
| BusinessDays.FollowingEndOfMonthExample | packages/core/src/daycount/businessDay.ts:62-73 | 30 and 31 August 2025 swap on a weekdays-only calendar. |
| BusinessDays.AddBusinessDays | packages/core/src/calendars/calendar.ts:605-617 | The n-th business day after or before a date wherever there is one, or the adjusted date for zero. |
| BusinessDays.ReachableExactly | packages/core/src/calendars/calendar.ts:605-616 | There is an `n`th business day that way if and only if there are that many business days that way at all. |
| BusinessDays.CountUndoesSteps | packages/core/src/calendars/calendar.ts:605-628 | Counting between a date and its n-th business day gives n, or n - 1 going forward from a day that is none. |
| BusinessDays.StepThenCount | packages/core/src/calendars/calendar.ts:605-628 | Stepping then counting gives back n if and only if n is not positive or the start is a business day; there is nothing to count only where n is zero and the roll fails. |
| DayCount.MeasureActActIsda | packages/core/src/daycount/conventions.ts:136-160 | Days, year fraction and the denominator derived from them. |
| DayCount.SumYears | packages/core/src/daycount/conventions.ts:140-158 | The loop over the years, each part over its own year's length, is the difference of two positions. |
| DayCount.FractionsAdd | packages/core/src/daycount/conventions.ts:136-160 | Fractions are additive over any three dates and antisymmetric. |
| DayCount.FractionBounds | packages/core/src/daycount/conventions.ts:136-160 | For ordered dates the fraction is between days over 366 and days over 365. |
| DayCount.OneDay | packages/core/src/daycount/conventions.ts:136-160 | A day is worth one over the number of days from the first of January of its year to the next. |
| DayCount.CivilIsDated | packages/core/src/daycount/conventions.ts:136-160 | Every real date lies in its own year of the epoch-day count. |
| CorporateActions.PriorRowIsLatest | packages/core/src/adjust/corporateActions.ts:114-139 | The row used is the latest strictly before the ex-date, the first of its date; there is none exactly when no row is earlier. |
| CorporateActions.AdjustmentFactors | packages/core/src/adjust/corporateActions.ts:150-201 | The steps of the applied actions in stable date order, or the first failure; which steps and factors those are, AdjustmentLaws.StepsAreOfActing says. |
| CorporateActions.SortKeepsProduct | packages/core/src/adjust/corporateActions.ts:200-201 | Sorting changes no cumulative factor. |
| CorporateActions.SuffixProducts | packages/core/src/adjust/corporateActions.ts:209-219 | The arrays hold the product of every suffix. |
| CorporateActions.FirstStepAfter | packages/core/src/adjust/corporateActions.ts:222-231 | Splits the steps at a date. |
| CorporateActions.SuffixIsProduct | packages/core/src/adjust/corporateActions.ts:203-231 | The suffix found by the search is the product of exactly the steps dated after the date. |
| CorporateActions.CumulativeFactors | packages/core/src/adjust/corporateActions.ts:238-251 | For each date the products of exactly the steps after it. |
| CorporateActions.ApplyAdjustment | packages/core/src/adjust/corporateActions.ts:259-302 | For bars in any order, on either path, each bar is scaled by exactly the steps after it. |
| CorporateActions.AdjustmentKeepsRange | packages/core/src/adjust/corporateActions.ts:259-302 | Under any policy an adjusted bar keeps low, open, close and high in order. |
| CorporateActions.PricePolicyKeepsTurnover | packages/core/src/adjust/corporateActions.ts:150-302 | Adjusted for ratios alone, close times volume is what it was. |
| TotalReturn.TotalReturnIndex | packages/core/src/adjust/corporateActions.ts:315-364 | The index of the ordered bars, or the failure the source throws; how it grows, TotalReturnLaws.GrowsByPayments says. |
| TotalReturn.NoLookAhead | packages/core/src/adjust/corporateActions.ts:315-364 | Any valid action dated after the last bar, wherever it stands in the list, leaves every point and every failure unchanged. |
| TotalReturn.LaterBarsChangeNothing | packages/core/src/adjust/corporateActions.ts:315-364 | Bars that come later leave every earlier point as it was. |
| TotalReturn.IndexTelescopes | packages/core/src/adjust/corporateActions.ts:315-364 | With nothing credited the index is the base times the ratio of adjusted closes. |
| TotalReturn.CreditedIsInside | packages/core/src/adjust/corporateActions.ts:345-348 | A payment is credited exactly when it falls after the first bar's date and not after the last, to the first bar on or after it. |
| TotalReturn.EveryPaymentOnce | packages/core/src/adjust/corporateActions.ts:333-349 | The cash of all bars is exactly the sum of those payments on the split basis: each reaches one bar, once. |
| TokenizerLaws.FlatExactly | packages/core/src/command/tokenizer.ts:67-79 | Without regard to parentheses, a bracket is closed at an index if and only if as many `<` as `>` stand up to there, the last a `>`, and nowhere before. |
| TokenizerLaws.ParensExactly | packages/core/src/command/tokenizer.ts:103-112 | The same for parentheses. |
| TokenizerLaws.BareExactly | packages/core/src/command/tokenizer.ts:93-113 | A bare formula ends at an index if and only if one to 32 letters and an opening parenthesis stand there and its parentheses first balance at that index. |
| TokenizerLaws.NestedIsOneToken | packages/core/src/command/tokenizer.ts:38-65 | A properly nested text in angle brackets, a `>` directly inside parentheses being an ordinary character, is one token to its own end, whatever comes behind it. |
| TokenizerLaws.UnclosedFallsBack | packages/core/src/command/tokenizer.ts:81-91 | When a parenthesis inside is never closed, the bracket closes where the angle brackets alone first balance. |
| TokenizerLaws.OrdinaryExactly | packages/core/src/command/tokenizer.ts:211-224 | An ordinary token runs to the first space or tab with an even number of quotes before it, and its text is what stands there without quotes. |
| TokenizerLaws.TokenExactly | packages/core/src/command/tokenizer.ts:192-230 | A token is a formula in angle brackets where those close, or else a bare formula where that closes, or else ordinary; the scan goes on behind it. |
| TokenizerLaws.TrimIs | packages/core/src/command/tokenizer.ts:126-129 | Trimming takes only blanks, from both ends, and leaves none there. |
| CommandArgsLaws.KeyEndExactly | packages/core/src/command/args.ts:584-586 | A keyed argument is a letter, then letters, digits and underscores, up to its first `=`. |
| CommandArgsLaws.LastEntryIsRead | packages/core/src/command/args.ts:483 | A typed key names the last entry whose key in capitals it is. |
| CommandArgsLaws.FirstEntryIsWritten | packages/core/src/command/args.ts:633-712 | A parameter is written under the first entry for it. |
| CommandArgsLaws.Spellings | packages/core/src/command/args.ts:716-730 | The one token each kind of value is written as, and which spelling comes first when an object has several. |
| CommandArgsLaws.JoinedWith | packages/core/src/command/args.ts:562 | Leftovers are joined by one space each. |
| CommandArgsLaws.ProblemsExactly | packages/core/src/command/args.ts:460-580 | Which problems a parse reports, each at its own argument: a key no entry has, a value its type refuses, the first argument that finds no slot when there is no rest, and each required slot that neither a token nor a key sets. |
| Util.LessExactly | packages/core/src/command/index.ts:432-438 | A text is less than another where it first differs by a smaller character, or ends first. |
| UniverseLaws.ImportanceIs | packages/core/src/command/index.ts:432-438 | The heavier entry comes first, of equal weights the one whose primary text is less, of equal texts the earlier one, and never both ways. |
| UniverseLaws.TickersAnswered | packages/core/src/command/index.ts:600-612 | A ticker query is answered by exactly the entries whose ticker begins with it, each once, by ticker and then by importance. |
| UniverseLaws.WordsAnswered | packages/core/src/command/index.ts:665-687 | A word query is answered by exactly the entries with a name word that begins with it, each once, by importance; below three characters by those alone that are no instruments or weigh at least two. |
| UniverseLaws.CappedIs | packages/core/src/command/index.ts:610-611 | A limit keeps that many of the first answers; without one, all. |
| UniverseLaws.GramsOfWords | packages/core/src/command/index.ts:151-160 | The trigrams of some words are exactly the slices of three characters of a word with two blanks before it and one behind. |
| UniverseLaws.JoinedWith | packages/core/src/command/index.ts:926 | A name's words are joined by one space each. |
| UniverseLaws.OfferedAre | packages/core/src/command/index.ts:917-932 | The texts offered for an entry: ticker, code, aliases, the whole name, and of several words those of three characters and more. |
| UniverseLaws.FirstEight | packages/core/src/command/index.ts:917-932 | An entry is matched on the first eight different texts offered that are not empty. |
| UniverseLaws.TopHitsAre | packages/core/src/command/index.ts:718-763 | A limit keeps that many of the first hits, and none when it is not positive. |
| UniverseLaws.StoredWidths | packages/core/src/command/index.ts:525-527 | What the tables keep of a number: 32 bits with a sign, congruent to it, or at most 65,535. |
| UniverseLaws.HitsInOrder | packages/core/src/command/index.ts:757-761 | Hits come by score, and of equal scores by importance. |
| Mru.KeyTexts | packages/core/src/search/types.ts:235-237 | A key's text is the kind's name, a colon and the identity. |
| TokenizerLaws.BlanksAre | packages/core/src/command/tokenizer.ts:128 | The blanks `trim` takes, by code point. |
| Prng.AcceptedBlocks | packages/core/src/analytics/prng.ts:119-124 | A draw is accepted exactly when the whole block of equally likely remainders it lies in fits below 2^32. |
| FormulaGrammar.EightAreKept | packages/core/src/formula/parser.ts:225-273 | Of the arguments of a call the first eight are kept. |
| FormulaAccept.LegalCallsAre | packages/core/src/formula/ast.ts:133-167 | The legal calls: `RATIO` and `SPREAD` of two operands, `MA` of a series and a whole window from 1 to 10,000, `NORM` of a series with such a window or none. |
| FormulaText.SchemesAre | packages/core/src/formula/ast.ts:374-380 | The six scheme prefixes. |
| FormulaText.PrintedProduct | packages/core/src/formula/ast.ts:391-423 | Operators are written without spaces, and brackets stand where a weaker operator is an operand. |
| FormulaText.PrintedCall | packages/core/src/formula/ast.ts:391-423 | A call is its name and its arguments' texts in brackets, parted by a comma and a space. |
| FormulaText.PrintedBands | packages/core/src/formula/ast.ts:391-423 | A right operand of its own band is bracketed behind `-` and not behind `+`. |
| FormulaText.PrintedSigns | packages/core/src/formula/ast.ts:391-423 | A sign behind a sign is bracketed. |
| FormulaText.PrintedScheme | packages/core/src/formula/ast.ts:374-380 | Behind a `/scheme/` reference the operator is spaced out. |
| FormulaCanonical.LengthExactly | packages/core/src/formula/ast.ts:41-42 | Blanks and a field are accepted exactly up to 400 characters in all. |
| FormulaRecognition.BodyExactly | packages/core/src/formula/lexer.ts:176-199 | The body is the text without white space at its ends, or what is inside when that is in angle brackets with no others in it. |
| FormulaRecognition.ReferenceWordsAre | packages/core/src/formula/lexer.ts:153-159 | A reference word is letters, digits, dots and dashes from a letter or digit on, or a date, or in front one to four letters, a slash and a letter. |
| FormulaRecognition.Capitals | packages/core/src/formula/lexer.ts:476-481 | Each small letter has its capital, and no other character changes. |
| CivilDates.EpochIsAThursday | packages/core/src/calendars/calendar.ts:137-140 | Day 0 is the first of January 1970 and a Thursday; Sundays and Saturdays are three and two days past a multiple of seven. |
| Calendar.WeekendsAre | packages/core/src/calendars/calendar.ts:458-461 | Weekends are the second and third day of every seven from day 0 on. |
| CombinedCalendar.NamesInOrder | packages/core/src/calendars/calendar.ts:676-684 | A closure of the union is called what each closed member calls it, with the member's identity, in their order, with slashes between. |
| BusinessDays.RollsExactly | packages/core/src/calendars/calendar.ts:552-580 | The next and the previous business day are the nearest ones, if there are any within 400 days. |
| PrngJump.PublishedJump | packages/core/src/analytics/prng.ts:147-169 | The state published for the seed 42 after its jump, from its state. |
| FormulaLaws.SignLaws | packages/core/src/formula/evaluator.ts:247-251 | `+x` evaluates as `x`, `-(-x)` as `x`, and `x+(-x)` to 0 whenever `x` has a value; a sign reads nothing of its own. |
| FormulaLaws.SumLaws | packages/core/src/formula/evaluator.ts:316-327 | Of any trees in any context: `x+0` has the value of `x`, and sums with values commute and associate. |
| FormulaLaws.DifferenceLaws | packages/core/src/formula/evaluator.ts:316-327 | `(x-y)+y` and `SPREAD(x,y)+y` have the value of `x`, or the first reason met; `x-y` is `x+(-y)`, reads included. |
| FormulaLaws.ProductLaws | packages/core/src/formula/evaluator.ts:316-327 | `x*1` has the value of `x`, and products with values commute. |
| FormulaLaws.ProductDistributes | packages/core/src/formula/evaluator.ts:316-327 | Products distribute over sums, in value and in reason. |
| FormulaLaws.QuotientLaws | packages/core/src/formula/evaluator.ts:316-327 | Of operands with values: a quotient has none exactly when the divisor is 0, and then for division by zero; `RATIO` is the quotient, reads included. |
| FormulaLaws.QuotientUndone | packages/core/src/formula/evaluator.ts:316-327 | Of operands with values, the divisor not 0: `(x/y)*y`, `RATIO(x,y)*y` and `(x*y)/y` have the value of `x`. |
| FormulaLaws.AbsentOperand | packages/core/src/formula/evaluator.ts:253-259 | The left operand's reason comes first and then nothing more is read; otherwise both are read in order, and only a divisor of 0 leaves two values without one. |
| FormulaLaws.AsOneFraction | packages/core/src/formula/evaluator.ts:238-327 | Every tree has a value or reason exactly as a reference evaluation that never divides gives it: one numerator over one non-zero denominator, cross-multiplied, a division turning the second fraction over unless its numerator is 0. |
| FormulaLaws.FieldLaws | packages/core/src/formula/evaluator.ts:174-194 | A field reads the row's own, a security its declared field or `PX_LAST`; one request, and the value, the missing field or the thrown error of the answer. |
| FormulaLaws.SeriesLaws | packages/core/src/formula/evaluator.ts:196-309 | `MA` has a value exactly when the last `n` points are there and finite, and times `n` it is their sum, counted from the front; `NORM` needs two points and a non-zero first, and times the first used it is a hundred times the last, with the reason for each way to fail. |
| FormulaLaws.AbsentSeries | packages/core/src/formula/evaluator.ts:196-208 | No series and a throwing accessor give their reasons; either way the series and its window are the one request. |
| FormulaLaws.BadWindows | packages/core/src/formula/evaluator.ts:218-224 | Anything but a whole number literal of at least 1 is a bad window, and then nothing is read. |
| FormulaLaws.BadShapes | packages/core/src/formula/evaluator.ts:264-288 | Holes, wrong numbers of arguments and arguments that name no series are bad formulas, and nothing is read. |
| FormulaLaws.CapIs256 | packages/core/src/formula/evaluator.ts:226-234 | A number under `n` signs is too deep exactly from 256 signs on. |
| FormulaLaws.FiveAndTwo | packages/core/src/formula/evaluator.ts:316-327 | `5+2`, `5-2`, `5*2` and `5/2` evaluate to 7, 3, 10 and 2.5. |
| FormulaRecognition.SecurityExactly | packages/core/src/formula/lexer.ts:373-455 | A token is a security, with that name and that end, if and only if one of the three rules says so of the text alone: a `/scheme/` span that parses; two to seven words in a row of which the last holds the first sector name, whose span parses; or six to twenty-four letters and digits that parse as a bare identifier, when no sector's reference starts there. |
| FormulaRecognition.RecognisedBySector | packages/core/src/formula/lexer.ts:405-434 | Two to seven words, the first a reference word, those between reference words that hold no sector, the last a sector name or starting with one: when the span parses, it is the first token, and the scan goes on behind it. |
| FormulaRecognition.NotPastSevenWords | packages/core/src/formula/lexer.ts:405-434 | When none of the words from the second to the seventh holds a sector, no reference that ends at one starts there. |
| FormulaRecognition.MalformedExactly | packages/core/src/formula/lexer.ts:386-403 | A malformed reference is exactly the longest span of value characters from a slash that names a scheme and does not parse. |
| FormulaRecognition.OrdinaryExactly | packages/core/src/formula/lexer.ts:457-519 | Where no reference starts: the longest number literal with the number it is read as, the longest word in capitals, or one character, an error unless it is punctuation. |
| FormulaRecognition.NumberIsLongest | packages/core/src/formula/lexer.ts:459-474 | The scanner's number is the longest text from there that is whole digits, fraction and complete exponent. |
| FormulaRecognition.DateExactly | packages/core/src/formula/lexer.ts:156-157 | A date word is one or two digits, one or two digits and two to four digits with slashes between. |
| FormulaRecognition.CharacterSets | packages/core/src/formula/lexer.ts:132-155 | Each character class, as the list of its characters. |
| FormulaRecognition.RatioOfSecurities | packages/core/src/formula/lexer.ts:1-40 | `ratio(AAPL US Equity, SPX Index)` is the name in capitals, a bracket, two securities with a comma between, and a bracket. |
| AdjustmentLaws.StepsAreOfActing | packages/core/src/adjust/corporateActions.ts:150-199 | The steps are those of the announced, confirmed or paid ratio actions, and under total return cash actions, one each and in their order; each solves its equations: price factor times new shares is old shares and volume the reverse, or price factor times the prior close is that close less the amount and volume stays. |
| AdjustmentLaws.StepIsUnique | packages/core/src/adjust/corporateActions.ts:150-199 | With positive closes an action's equations have one solution. |
| AdjustmentLaws.SortIsStable | packages/core/src/adjust/corporateActions.ts:200 | The steps come in ascending order, those of one date in the order of their actions. |
| AdjustmentLaws.FirstIsToBlame | packages/core/src/adjust/corporateActions.ts:150-199 | There is a failure if and only if some acting action is bad, and it is the first such action's: bad ratio, bad amount, no prior close, a prior close that is not positive, or a payment of at least the prior close. |
| AdjustmentLaws.RatiosAfter | packages/core/src/adjust/corporateActions.ts:204-233 | The price factor of a date, times the new shares of every ratio action after it, is the old shares of those; the volume factor the reverse. |
| AdjustmentLaws.PricesMoveTogether | packages/core/src/adjust/corporateActions.ts:259-302 | An adjusted bar keeps its date and the proportions of its open, high and low to its close, which is scaled by the steps after it. |
| AdjustmentLaws.OptionalPrices | packages/core/src/adjust/corporateActions.ts:259-302 | So do the average price and the official close where there are any; volume is scaled by its own factor; what is not there stays so. |
| AdjustmentLaws.TwoForOne | packages/core/src/adjust/corporateActions.ts:144-145 | A 2:1 split is a factor of a half on price and two on volume on every date before it and on no other. |
| AdjustmentLaws.HalfOnFifty | packages/core/src/adjust/corporateActions.ts:146-147 | 0.50 paid on a prior close of 50.00 is a factor of 0.99 under total return and none under price. |
| TotalReturnLaws.GrowsByPayments | packages/core/src/adjust/corporateActions.ts:304-364 | Each value times the adjusted close before it is the value before it times the adjusted close plus what was paid after the bar before and not after this one. |
| TotalReturnLaws.StartsAtBase | packages/core/src/adjust/corporateActions.ts:349-350 | The first point is the base, or the first close as quoted. |
| TotalReturnLaws.AheadWhenPaid | packages/core/src/adjust/corporateActions.ts:349-363 | From a positive start the index is never behind the price return, and ahead of it exactly once something was paid since the first bar. |
| TotalReturnLaws.BarsSortStably | packages/core/src/adjust/corporateActions.ts:322 | The bars are taken in ascending order, those of one date as given. |
| TotalReturnLaws.TwoOnAHundred | packages/core/src/adjust/corporateActions.ts:305 | Closes of 100 and 100 with 2.00 paid on the second date give 100 and 102. |
| EasterMoon.EasterFollowsMoon | packages/core/src/calendars/calendar.ts:256-277 | In every year from 0 on Easter is the Sunday one to seven days after the paschal full moon, which is defined apart from the algorithm. |
| EasterMoon.MoonIsEpact | packages/core/src/calendars/calendar.ts:261-269 | The algorithm's `h` is the moon told from year to year: eleven days earlier each year, twelve when the nineteen-year cycle begins again, one later for a century year that is no leap year, one earlier in eight centuries of every twenty-five. |
| EasterMoon.Easter2024 | packages/core/src/calendars/calendar.ts:256-277 | 31 March 2024. |
| EasterMoon.Easter2025 | packages/core/src/calendars/calendar.ts:256-277 | 20 April 2025. |
| EasterMoon.Easter2026 | packages/core/src/calendars/calendar.ts:256-277 | 5 April 2026. |
| Prng.DrawTellsSecondWord | packages/core/src/analytics/prng.ts:92 | Undoing the scramble of the word drawn gives the state's second word. |
| Prng.FourDrawsTellTheState | packages/core/src/analytics/prng.ts:86-107 | Two states with the same four draws in a row are the same state. |
| Prng.PublishedDraws | packages/core/src/analytics/prng.ts:86-107 | The eight draws published for the seed 42, from its state. |
| Prng.StepIsBijective | packages/core/src/analytics/prng.ts:86-107 | Every state is the successor of exactly one state. |
| Prng.StepIsLinear | packages/core/src/analytics/prng.ts:86-107 | The successor of a sum of states is the sum of the successors. |
| Prng.NeverZero | packages/core/src/analytics/prng.ts:80-83 | However many draws, a state is all zero only when it started so. |
| Prng.RunIsInjective | packages/core/src/analytics/prng.ts:86-107 | Different states stay different after any number of draws. |
| Prng.ScrambleIsBijective | packages/core/src/analytics/prng.ts:92 | Every word is drawn from exactly one value of the second state word. |
| Prng.JumpIsLinear | packages/core/src/analytics/prng.ts:147-169 | The jump of a sum is the sum of the jumps. |
| Prng.JumpCommutes | packages/core/src/analytics/prng.ts:147-169 | Jumping then drawing any number of times leaves the same words as drawing then jumping. |
| Prng.NextIntIsUnbiased | packages/core/src/analytics/prng.ts:119-124 | Among the accepted draws every remainder has equally many preimages, and fewer draws than the range are refused. |
| Prng.Xoshiro128StarStar.NextUint32 | packages/core/src/analytics/prng.ts:86-107 | The scrambled second word; the state moves one step, and is zero after exactly when it was before. |
| Prng.Xoshiro128StarStar.NextInt | packages/core/src/analytics/prng.ts:113-125 | Refuses a range out of bounds; otherwise the remainder of the first accepted draw, the state right after it. |
| Prng.Xoshiro128StarStar.Jump | packages/core/src/analytics/prng.ts:147-169 | The words are the sum of the states that the polynomial's 128 coefficients select; the spare variate is dropped. |
| Prng.Xoshiro128StarStar.Clone | packages/core/src/analytics/prng.ts:143-145 | A new generator at the same words and spare variate. |
| Prng.PrngFromState | packages/core/src/analytics/prng.ts:74-84 | Refused exactly when the words are all zero. |

## Left out

- FormulaParser.Parser.Parse: says that some problem is reported when the tokens are no expression, not which codes and spans; messages and the sorting of problems by place are not modelled.
- FormulaPrinter.ParseOfFormat: is about printed tokens; the text is FormulaScansBack's and FormulaRescan's.
- FormulaPrinter.RoundTripExactly: the same.
- FormulaPrinter.CanonicalIsStable: the same.
- FormulaPipeline.ParseFormula: says that a rejected text has problems, not which codes and spans; how numbers are spelled is an arbitrary function.
- FormulaScansBack.CanonicalTextIsKept: assumes that numbers are read back from their spelling and that canonical securities begin like a reference and end with no space.
- FormulaScansBack.AcceptedIsSpelled: the same assumption.
- FormulaRescan.RereadExactly: assumes in addition that a reference recognised where a canonical spelling of it stands is recognised to the end of that spelling.
- FormulaRescan.CanonicalTextExactly: both assumptions.
- CivilDates.EasterIsASunday: from year 0 on; before, remainders are negative and the feast can leave its season, as in the year of EasterNeedsACommonEraYear.
- FormulaEvaluator.ReassocMeansTheSame: holds in exact arithmetic; floating-point rounding and overflow are not modelled.
- FormulaLexer.ScanReference: takes security-reference parsing and sector lookup as arbitrary functions, and characters as code points.
- FormulaLexer.ScannedAreClean: assumes that a parsed reference has a non-empty canonical form.
- FormulaPipeline.AcceptedProvenance: the same assumption.
- CommandArgs.ParseArgs: takes coercion and upper-casing as arbitrary functions; messages, spans and inputs of the wrong type are not modelled.
- UniverseIndex.UniverseIndex.TrigramSearch: the 32-bit width is modelled for the stamps, not for the counters, which no query is long enough to exceed.
- UniverseIndex.UniverseIndex.TickerPrefix: the table of places in the order of importance is replaced by the comparison it encodes, and sorting by insertion.
- Mru.MruList.SetMru: rows of the wrong shape are not modelled; which of two rows with equal key and time survives is left to the model's sort.
- BusinessDays.AddBusinessDays: covers the dates that have an n-th business day that way; from others the source's loop does not end.
- BusinessDays.StepThenCount: the same.
- DayCount.MeasureActActIsda: exact arithmetic in place of floating point.
- CorporateActions.ApplyAdjustment: exact arithmetic; values that are not finite are not modelled, and dates are ordered numbers instead of texts.
- Prng.Xoshiro128StarStar.NextInt: the rejection loop has no bound in the source; the model takes a draw known to be accepted as a ghost argument, so runs that would never end are not covered.
- Prng.Xoshiro128StarStar.Jump: does not say that the jumped words of a live generator are not all zero, nor that the jump is exactly 2^64 draws; PublishedJump ties the polynomial to the one jump the source's tests publish.
- Normal variates and the seeding by SHA-256.
- Code and identity lookups of the index, and building entries from snapshot rows, which would add members of the same kind or plain field copying.
- The 30/360 and ICMA conventions, and dates as texts: years of four to six digits are read, while days far enough from 1970 are written with longer years that are refused again.
- Candidate ranking, the command parser, bills, hashing, the literal holiday lists, and everything outside the core package.
